/**
 * The routine extractors: every `pro NAME` or `function NAME` definition
 * becomes a symbol; names ending in `__define` register a class in the
 * caller's `objects` list; and when the file defines exactly one class, the
 * class prefix is dropped from the names shown in the outline.
 *
 * The same loop appears three times in the server (the `parsing` module and
 * both symbol extractors); it is modelled once, parameterised by the kind of
 * definition.
 */
module ExtractRoutines {
  import opened Text
  import opened Lsp
  import opened Regex
  import opened RoutineExtras

  /** A procedure (`pro NAME`) or a function (`function NAME`) definition. */
  datatype Definition = ProDef | FunctionDef
  {
    function Keyword(): String
    {
      if this == ProDef then "pro" else "function"
    }

    /** What the symbol name adds to the matched identifier. */
    function Suffix(): String
    {
      if this == ProDef then "" else "()"
    }

    /** The start of the symbol's detail. */
    function Label(): String
    {
      if this == ProDef then "Procedure" else "Function"
    }

    /** `(?<=^\s*KW[\s]+)[a-z_][a-z_$0-9:]*` with the `gim` flags. */
    function Pattern(): Regex.Pattern
    {
      Decl(Keyword(), false)
    }
  }

  /** `m` is a match of the definition expression of `def` in `text`. */
  predicate IsDefMatch(text: String, def: Definition, m: Match)
  {
    m.index <= |text| && MatchAt(def.Pattern(), text, m.index) == Some(m.groups)
  }

  /** The symbol built for one match, before any display-name rewrite. */
  function RoutineSymbol(text: String, def: Definition, m: Match): Symbol
    requires IsDefMatch(text, def, m)
  {
    assert Matched(text, m.index, m.groups);
    var name := m.groups[0];
    var (line, col) := LineColumn(text, m.index);
    var range := LineRange(line, col, col + |name|);
    Symbol(name + def.Suffix(), def.Label() + NameAdd(name), RoutineType(name), range, range, name + def.Suffix(), None)
  }

  /** The symbols of the matches `ms`, in order. */
  function RoutineSymbols(text: String, def: Definition, ms: seq<Match>): (r: seq<Symbol>)
    requires forall i :: 0 <= i < |ms| ==> IsDefMatch(text, def, ms[i])
    ensures |r| == |ms|
  {
    if |ms| == 0 then [] else RoutineSymbols(text, def, ms[..|ms| - 1]) + [RoutineSymbol(text, def, ms[|ms| - 1])]
  }

  /** The class a `…__define` routine defines: the lower-case name without its first `__define`. */
  function ObjectName(name: String): String
  {
    Replace(LowerStr(name), "__define", "")
  }

  /** Registers the class of `name`, if it is a class definition not seen before. */
  function AddObject(objects: seq<String>, name: String): seq<String>
  {
    if Contains(LowerStr(name), "__define") && ObjectName(name) !in objects
    then objects + [ObjectName(name)]
    else objects
  }

  /** `objects` after the matches `ms` have been visited. */
  function ObjectsAfter(objects: seq<String>, ms: seq<Match>): seq<String>
    requires forall i :: 0 <= i < |ms| ==> |ms[i].groups| >= 1
  {
    if |ms| == 0 then objects else AddObject(ObjectsAfter(objects, ms[..|ms| - 1]), ms[|ms| - 1].groups[0])
  }

  /** The display-name rewrite for the single class `obj`: keep the name from its first `:`. */
  function CleanDisplay(obj: String, s: Symbol): Symbol
  {
    var lowName := LowerStr(s.displayName);
    LowerContainsChar(s.displayName, ':');
    if Contains(lowName, obj) && Contains(lowName, ":")
    then s.(displayName := SubstrFrom(s.displayName, IndexOf(s.displayName, ":", 0)))
    else s
  }

  /** The symbols returned, given the final `objects` list. */
  function Cleaned(objects: seq<String>, symbols: seq<Symbol>): (r: seq<Symbol>)
    ensures |r| == |symbols|
  {
    if |objects| == 1 then seq(|symbols|, i requires 0 <= i < |symbols| => CleanDisplay(objects[0], symbols[i]))
    else symbols
  }

  /** What the extractor returns for `text` and the caller's `objects`: the symbols and the updated list. */
  function Extracted(text: String, def: Definition, objects: seq<String>): (seq<Symbol>, seq<String>)
  {
    var ms := ExecAll(def.Pattern(), text, 0);
    var objs := ObjectsAfter(objects, ms);
    (Cleaned(objs, RoutineSymbols(text, def, ms)), objs)
  }

  /**
   * `extractProcedures` and the extractors' `_extractProcedures` and
   * `_extractFunctions`: the `exec` loop building one symbol per match and
   * registering classes, then the display-name rewrite. The caller's array
   * `objects` is passed in and handed back updated.
   */
  method ExtractRoutines(text: String, def: Definition, objects: seq<String>)
    returns (symbols: seq<Symbol>, objectsOut: seq<String>)
    ensures (symbols, objectsOut) == Extracted(text, def, objects)
  {
    symbols, objectsOut := CollectRoutines(text, def, objects);
    if |objectsOut| == 1 {
      symbols := CleanDisplayNames(objectsOut[0], symbols);
    }
  }

  /** The `exec` loop of the extractors: one symbol per match, classes registered as they appear. */
  method CollectRoutines(text: String, def: Definition, objects: seq<String>)
    returns (symbols: seq<Symbol>, objectsOut: seq<String>)
    ensures var ms := ExecAll(def.Pattern(), text, 0);
      symbols == RoutineSymbols(text, def, ms) && objectsOut == ObjectsAfter(objects, ms)
  {
    symbols := [];
    objectsOut := objects;
    var pat := def.Pattern();
    var lastIndex: nat := 0;
    ghost var done: seq<Match> := [];
    var m := NextMatch(pat, text, lastIndex);
    while m.Some?
      invariant m == NextMatch(pat, text, lastIndex)
      invariant ExecAll(pat, text, 0) == done + ExecAll(pat, text, lastIndex)
      invariant forall i :: 0 <= i < |done| ==> IsDefMatch(text, def, done[i]) && |done[i].groups| >= 1
      invariant symbols == RoutineSymbols(text, def, done)
      invariant objectsOut == ObjectsAfter(objects, done)
      decreases |text| + 1 - lastIndex
    {
      var mv := m.value;
      ExecAdvance(pat, text, done, lastIndex);
      assert IsDefMatch(text, def, mv) && |mv.groups| >= 1;
      objectsOut := RegisterObject(objectsOut, mv.groups[0]);
      symbols := symbols + [RoutineSymbol(text, def, mv)];
      DefMatchesSnoc(text, def, done, mv);
      done := done + [mv];
      lastIndex := mv.End();
      m := NextMatch(pat, text, lastIndex);
    }
    ExecDone(pat, text, done, lastIndex);
  }

  /** Appending a definition match keeps the list one of definition matches, and its prefix as it was. */
  lemma DefMatchesSnoc(text: String, def: Definition, done: seq<Match>, m: Match)
    requires forall i :: 0 <= i < |done| ==> IsDefMatch(text, def, done[i]) && |done[i].groups| >= 1
    requires IsDefMatch(text, def, m) && |m.groups| >= 1
    ensures forall i :: 0 <= i < |done| + 1 ==> IsDefMatch(text, def, (done + [m])[i]) && |(done + [m])[i].groups| >= 1
    ensures (done + [m])[..|done|] == done
  {
  }

  /** The class check of the loop body: a `…__define` name appends its class unless already listed. */
  method RegisterObject(objects: seq<String>, name: String) returns (objectsOut: seq<String>)
    ensures objectsOut == AddObject(objects, name)
  {
    objectsOut := objects;
    var lowMatch := LowerStr(name);
    if Contains(lowMatch, "__define") {
      var objName := Replace(lowMatch, "__define", "");
      if objName !in objectsOut {
        objectsOut := objectsOut + [objName];
      }
    }
  }

  /** The `forEach` that rewrites display names in place when the file defines exactly one class `obj`. */
  method CleanDisplayNames(obj: String, raw: seq<Symbol>) returns (symbols: seq<Symbol>)
    ensures symbols == Cleaned([obj], raw)
  {
    symbols := raw;
    var idx := 0;
    while idx < |symbols|
      invariant idx <= |symbols| == |raw|
      invariant forall i :: 0 <= i < idx ==> symbols[i] == CleanDisplay(obj, raw[i])
      invariant forall i :: idx <= i < |symbols| ==> symbols[i] == raw[i]
    {
      var symbol := symbols[idx];
      var lowName := LowerStr(symbol.displayName);
      if Contains(lowName, obj) && Contains(lowName, ":") {
        LowerContainsChar(symbol.displayName, ':');
        symbols := symbols[idx := symbol.(displayName := SubstrFrom(symbol.displayName, IndexOf(symbol.displayName, ":", 0)))];
      }
      assert symbols[idx] == CleanDisplay(obj, raw[idx]);
      idx := idx + 1;
    }
  }
  /** The `i`-th symbol is the one built for the `i`-th match. */
  lemma {:induction false} RoutineSymbolAt(text: String, def: Definition, ms: seq<Match>, i: nat)
    requires forall k :: 0 <= k < |ms| ==> IsDefMatch(text, def, ms[k])
    requires i < |ms|
    ensures RoutineSymbols(text, def, ms)[i] == RoutineSymbol(text, def, ms[i])
  {
    var init := ms[..|ms| - 1];
    var prev := RoutineSymbols(text, def, init);
    var last := RoutineSymbol(text, def, ms[|ms| - 1]);
    assert RoutineSymbols(text, def, ms) == prev + [last];
    if i < |ms| - 1 {
      assert forall k :: 0 <= k < |init| ==> init[k] == ms[k];
      RoutineSymbolAt(text, def, init, i);
      assert (prev + [last])[i] == prev[i];
    }
  }

  /** `name` defines a class: its lower-case form contains `__define`. */
  predicate IsClassDefinition(name: String)
  {
    Contains(LowerStr(name), "__define")
  }

  /**
   * The class list only grows: the caller's entries stay in front, each new
   * entry is the class of some `…__define` match, every such class ends up
   * listed, and a list without duplicates stays without duplicates.
   */
  lemma ObjectsGrow(objects: seq<String>, ms: seq<Match>)
    requires forall i :: 0 <= i < |ms| ==> |ms[i].groups| >= 1
    ensures objects <= ObjectsAfter(objects, ms)
    ensures forall k :: |objects| <= k < |ObjectsAfter(objects, ms)| ==>
      exists i :: 0 <= i < |ms| && IsClassDefinition(ms[i].groups[0]) && ObjectName(ms[i].groups[0]) == ObjectsAfter(objects, ms)[k]
    ensures forall i :: 0 <= i < |ms| && IsClassDefinition(ms[i].groups[0]) ==> ObjectName(ms[i].groups[0]) in ObjectsAfter(objects, ms)
    ensures NoDuplicates(objects) ==> NoDuplicates(ObjectsAfter(objects, ms))
  {
    ObjectsPrefix(objects, ms);
    ObjectsFrom(objects, ms);
    ObjectsCover(objects, ms);
    ObjectsDistinct(objects, ms);
  }

  /** `x` is the class of one of the `…__define` matches. */
  ghost predicate ClassOfSome(ms: seq<Match>, x: String)
  {
    exists i :: 0 <= i < |ms| && |ms[i].groups| >= 1 && IsClassDefinition(ms[i].groups[0]) && ObjectName(ms[i].groups[0]) == x
  }

  /** The caller's entries stay in front. */
  lemma {:induction false} ObjectsPrefix(objects: seq<String>, ms: seq<Match>)
    requires forall i :: 0 <= i < |ms| ==> |ms[i].groups| >= 1
    ensures objects <= ObjectsAfter(objects, ms)
  {
    if |ms| > 0 {
      var init := ms[..|ms| - 1];
      ObjectsPrefix(objects, init);
      AddObjectFacts(ObjectsAfter(objects, init), ms[|ms| - 1].groups[0]);
    }
  }

  /** Each entry added is the class of some `…__define` match. */
  lemma {:induction false} ObjectsFrom(objects: seq<String>, ms: seq<Match>)
    requires forall i :: 0 <= i < |ms| ==> |ms[i].groups| >= 1
    ensures forall k :: |objects| <= k < |ObjectsAfter(objects, ms)| ==> ClassOfSome(ms, ObjectsAfter(objects, ms)[k])
  {
    if |ms| > 0 {
      var init := ms[..|ms| - 1];
      ObjectsFrom(objects, init);
      ObjectsPrefix(objects, init);
      var before := ObjectsAfter(objects, init);
      var r := ObjectsAfter(objects, ms);
      AddObjectFacts(before, ms[|ms| - 1].groups[0]);
      forall k | |objects| <= k < |r| ensures ClassOfSome(ms, r[k]) {
        if k < |before| {
          assert r[k] == before[k];
          assert ClassOfSome(init, before[k]);
          var i :| 0 <= i < |init| && |init[i].groups| >= 1 && IsClassDefinition(init[i].groups[0]) &&
            ObjectName(init[i].groups[0]) == before[k];
          assert ms[i] == init[i];
        } else {
          assert IsClassDefinition(ms[|ms| - 1].groups[0]) && r[k] == ObjectName(ms[|ms| - 1].groups[0]);
        }
      }
    }
  }

  /** Every class of a `…__define` match ends up listed. */
  lemma {:induction false} ObjectsCover(objects: seq<String>, ms: seq<Match>)
    requires forall i :: 0 <= i < |ms| ==> |ms[i].groups| >= 1
    ensures forall i :: 0 <= i < |ms| && IsClassDefinition(ms[i].groups[0]) ==> ObjectName(ms[i].groups[0]) in ObjectsAfter(objects, ms)
  {
    if |ms| > 0 {
      var init := ms[..|ms| - 1];
      ObjectsCover(objects, init);
      var before := ObjectsAfter(objects, init);
      AddObjectFacts(before, ms[|ms| - 1].groups[0]);
      forall i | 0 <= i < |ms| - 1 && IsClassDefinition(ms[i].groups[0])
        ensures ObjectName(ms[i].groups[0]) in ObjectsAfter(objects, ms)
      {
        assert ms[i] == init[i];
        assert ObjectName(init[i].groups[0]) in before;
      }
    }
  }

  /** A list without duplicates stays without duplicates. */
  lemma {:induction false} ObjectsDistinct(objects: seq<String>, ms: seq<Match>)
    requires forall i :: 0 <= i < |ms| ==> |ms[i].groups| >= 1
    ensures NoDuplicates(objects) ==> NoDuplicates(ObjectsAfter(objects, ms))
  {
    if |ms| > 0 {
      var init := ms[..|ms| - 1];
      ObjectsDistinct(objects, init);
      AddObjectFacts(ObjectsAfter(objects, init), ms[|ms| - 1].groups[0]);
    }
  }

  /** One visit: the list keeps its entries and gains at most the class of `name`, once. */
  lemma AddObjectFacts(objects: seq<String>, name: String)
    ensures var r := AddObject(objects, name);
      objects <= r && |r| <= |objects| + 1 &&
      (|r| == |objects| + 1 ==> IsClassDefinition(name) && r[|objects|] == ObjectName(name)) &&
      (IsClassDefinition(name) ==> ObjectName(name) in r) &&
      (NoDuplicates(objects) ==> NoDuplicates(r))
  {
  }

  /**
   * What a routine symbol says about the text: the name is an identifier
   * `[a-z_][a-z_$0-9:]*` standing in the text at the match offset, after a
   * line start, optional white space, the keyword and white space; the range
   * is the name's own span on its line (line = number of `\n` before it,
   * column as `LineColumnSpec` describes it), and the selection range is the
   * same; detail and kind come from the name.
   */
  lemma RoutineSymbolShape(text: String, def: Definition, m: Match)
    requires IsDefMatch(text, def, m)
    ensures 0 < |m.groups[0]| && m.index + |m.groups[0]| <= |text| && text[m.index..m.index + |m.groups[0]|] == m.groups[0]
    ensures IsIdentStart(m.groups[0][0]) && forall k :: 0 <= k < |m.groups[0]| ==> RoutineChars.Has(m.groups[0][k])
    ensures KeywordBefore(text, def.Keyword(), false, m.index)
    ensures RoutineSymbol(text, def, m).name == m.groups[0] + def.Suffix()
    ensures RoutineSymbol(text, def, m).displayName == RoutineSymbol(text, def, m).name
    ensures RoutineSymbol(text, def, m).detail == def.Label() + NameAdd(m.groups[0])
    ensures RoutineSymbol(text, def, m).kind == RoutineType(m.groups[0])
    ensures RoutineSymbol(text, def, m).range == RoutineSymbol(text, def, m).selectionRange
    ensures RoutineSymbol(text, def, m).next == None
    ensures RoutineSymbol(text, def, m).range ==
      LineRange(Count(text[..m.index], '\n'), LineColumn(text, m.index).1, LineColumn(text, m.index).1 + |m.groups[0]|)
  {
    RoutineNameShape(text, def, m);
    RoutineFields(text, def, m, LineColumn(text, m.index).0, LineColumn(text, m.index).1);
    LineColumnSpec(text, m.index);
  }

  /** The fields of a routine symbol, given the line and column of its match. */
  lemma RoutineFields(text: String, def: Definition, m: Match, line: nat, col: nat)
    requires IsDefMatch(text, def, m) && (line, col) == LineColumn(text, m.index)
    ensures var name := m.groups[0];
      var range := LineRange(line, col, col + |name|);
      RoutineSymbol(text, def, m) == Symbol(name + def.Suffix(), def.Label() + NameAdd(name), RoutineType(name), range, range, name + def.Suffix(), None)
  {
  }

  /** The name group of a routine match is an identifier standing in the text after the keyword. */
  lemma RoutineNameShape(text: String, def: Definition, m: Match)
    requires IsDefMatch(text, def, m)
    ensures var name := m.groups[0];
      0 < |name| && m.index + |name| <= |text| && text[m.index..m.index + |name|] == name &&
      IsIdentStart(name[0]) && (forall k :: 0 <= k < |name| ==> RoutineChars.Has(name[k])) &&
      KeywordBefore(text, def.Keyword(), false, m.index)
  {
    var e := RunEnd(RoutineChars, text, m.index);
    assert m.groups == [text[m.index..e]];
  }

  /** The rewrite for class `obj` changes only the display name, cutting it at its first `:`. */
  lemma CleanDisplayRule(obj: String, s: Symbol)
    ensures var r := CleanDisplay(obj, s);
      var n := s.displayName;
      r.(displayName := n) == s &&
      if Contains(LowerStr(n), obj) && Contains(n, ":") then
        exists k :: 0 <= k < |n| && n[k] == ':' && ':' !in n[..k] && r.displayName == n[k..]
      else r.displayName == n
  {
    var n := s.displayName;
    LowerContainsChar(n, ':');
    var k := IndexOf(n, ":", 0);
    if k != -1 {
      assert n[k..k + 1] == ":";
      assert ':' !in n[..k] by {
        forall j | 0 <= j < k ensures n[j] != ':' {
          assert !OccursAt(n, ":", j);
          assert n[j..j + 1] == [n[j]];
        }
      }
      if Contains(LowerStr(n), obj) && Contains(n, ":") {
        assert 0 <= k < |n| && n[k] == ':' && ':' !in n[..k] && CleanDisplay(obj, s).displayName == n[k..];
      }
    }
  }

  /**
   * The display names: each symbol is the one built for its match, except
   * that with exactly one class listed, a name containing that class and a
   * `:` is shown from its first `:` on.
   */
  lemma DisplayNameRule(text: String, def: Definition, objects: seq<String>, i: nat)
    requires i < |ExecAll(def.Pattern(), text, 0)|
    ensures var ms := ExecAll(def.Pattern(), text, 0);
      var (syms, objs) := Extracted(text, def, objects);
      var raw := RoutineSymbol(text, def, ms[i]);
      var n := raw.name;
      |syms| == |ms| &&
      syms[i].(displayName := n) == raw &&
      if |objs| == 1 && Contains(LowerStr(n), objs[0]) && Contains(n, ":") then
        exists k :: 0 <= k < |n| && n[k] == ':' && ':' !in n[..k] && syms[i].displayName == n[k..]
      else syms[i].displayName == n
  {
    var ms := ExecAll(def.Pattern(), text, 0);
    RoutineSymbolAt(text, def, ms, i);
    var raw := RoutineSymbol(text, def, ms[i]);
    var objs := ObjectsAfter(objects, ms);
    if |objs| == 1 {
      CleanDisplayRule(objs[0], raw);
    }
  }

  /** Definitions never overlap: a name ends before the next definition can start. */
  lemma DeclApart(text: String, def: Definition, q: nat, p: nat)
    requires q < p <= |text|
    requires MatchAt(def.Pattern(), text, q).Some? && MatchAt(def.Pattern(), text, p).Some?
    ensures q + |MatchAt(def.Pattern(), text, q).value[0]| < p
  {
    var e := RunEnd(RoutineChars, text, q);
    assert MatchAt(def.Pattern(), text, q).value[0] == text[q..e];
    assert KeywordBefore(text, def.Keyword(), false, p);
    assert IsSpace(text[p - 1]);
  }

  /** Every definition in the text is visited by the loop, so each gets its symbol. */
  lemma {:induction false} DeclFound(text: String, def: Definition, from: nat, p: nat)
    requires from <= p <= |text| && MatchAt(def.Pattern(), text, p).Some?
    ensures exists i :: 0 <= i < |ExecAll(def.Pattern(), text, from)| && ExecAll(def.Pattern(), text, from)[i].index == p
    decreases |text| + 1 - from
  {
    var pat := def.Pattern();
    ExecStep(pat, text, from);
    var m := NextMatch(pat, text, from).value;
    var all := ExecAll(pat, text, from);
    assert all[0] == m;
    if m.index != p {
      DeclApart(text, def, m.index, p);
      DeclFound(text, def, m.End(), p);
      var j :| 0 <= j < |ExecAll(pat, text, m.End())| && ExecAll(pat, text, m.End())[j].index == p;
      assert all[j + 1].index == p;
    }
  }

  /** Every symbol's detail starts with the pass's label and its name ends with the pass's suffix. */
  predicate Labelled(syms: seq<Symbol>, def: Definition)
  {
    forall i :: 0 <= i < |syms| ==> StartsWith(syms[i].detail, def.Label()) && EndsWith(syms[i].name, def.Suffix())
  }

  /** The symbols of one routine pass: one per definition, each with the pass's detail and name suffix. */
  lemma RoutinePass(text: String, def: Definition, objects: seq<String>)
    ensures var syms := Extracted(text, def, objects).0;
      |syms| == |ExecAll(def.Pattern(), text, 0)| && Labelled(syms, def)
  {
    var ms := ExecAll(def.Pattern(), text, 0);
    var syms := Extracted(text, def, objects).0;
    if |ms| > 0 { DisplayNameRule(text, def, objects, 0); }
    forall i | 0 <= i < |syms| ensures StartsWith(syms[i].detail, def.Label()) && EndsWith(syms[i].name, def.Suffix()) {
      DisplayNameRule(text, def, objects, i);
      RoutineLabel(text, def, ms[i]);
    }
  }

  /** A routine symbol's detail starts with the pass's label and its name ends with the pass's suffix. */
  lemma RoutineLabel(text: String, def: Definition, m: Match)
    requires IsDefMatch(text, def, m)
    ensures var s := RoutineSymbol(text, def, m);
      StartsWith(s.detail, def.Label()) && EndsWith(s.name, def.Suffix())
  {
    var s := RoutineSymbol(text, def, m);
    var name := m.groups[0];
    assert s.detail == def.Label() + NameAdd(name) && s.name == name + def.Suffix();
    assert s.detail[..|def.Label()|] == def.Label();
    assert s.name[|s.name| - |def.Suffix()|..] == def.Suffix();
  }
}
