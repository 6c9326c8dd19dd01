/**
 * The read-only requests the newer symbol index answers: which completion
 * items `_searchRoutines` and `completion` return, what `findSymbolsByName`
 * lists, and which location `findSymbolDefinition` gives. The fuzzy matcher
 * is not modelled: its hits are an input, as positions in the array it was
 * given.
 */
module SymbolQueries {
  import opened Text
  import opened Lsp
  import opened SymbolIndex

  /** Where the routine search reads from: every routine, or one bucket. */
  datatype Route = AllRoutines | FromBucket(bucket: Bucket)

  /** The plain (not optimized) routing of `_searchRoutines`: the first case that holds wins. */
  function PlainRoute(q: SelectedWord): Route
  {
    if q.equalBefore || q.isFunction then FromBucket(FunctionsBucket)
    else if q.name == "" then AllRoutines
    else if q.isMethod && q.equalBefore then FromBucket(FunctionMethodsBucket)
    else if q.isMethod && !q.equalBefore then FromBucket(ProcedureMethodsBucket)
    else FromBucket(ProceduresBucket)
  }

  /** The optimized routing of `_searchRoutines`: the method cases come first. */
  function SearchBucket(q: SelectedWord): Bucket
  {
    if q.isMethod && q.equalBefore then FunctionMethodsBucket
    else if q.isMethod && !q.equalBefore then ProcedureMethodsBucket
    else if q.equalBefore || q.isFunction then FunctionsBucket
    else ProceduresBucket
  }

  /** `Object.values(routineCompletionLookup)`: the items in the order their keys were first added. */
  function RoutineValues(lookup: map<String, CompletionItem>, order: seq<String>): seq<CompletionItem>
  {
    if |order| == 0 then []
    else
      var rest := RoutineValues(lookup, order[..|order| - 1]);
      var k := order[|order| - 1];
      if k in lookup then rest + [lookup[k]] else rest
  }

  /** The optimized loop: for each hit, in order, the routine item of its lower-cased target, when still present. */
  function Found(lookup: map<String, CompletionItem>, search: seq<Prepared>, hits: seq<nat>): seq<CompletionItem>
    requires ValidHits(hits, |search|)
  {
    if |hits| == 0 then []
    else
      var rest := Found(lookup, search, hits[..|hits| - 1]);
      var lc := LowerStr(search[hits[|hits| - 1]].target);
      if lc in lookup then rest + [lookup[lc]] else rest
  }

  /** `_searchRoutines(query, optimized)`, with `hits` the matcher's hits in the bucket searched. */
  function SearchRoutines(ix: Index, q: SelectedWord, optimized: bool, hits: seq<nat>): seq<CompletionItem>
    requires optimized ==> ValidHits(hits, |ix.quickSearchLookup.Get(SearchBucket(q))|)
  {
    if !optimized then
      match PlainRoute(q)
      case AllRoutines => RoutineValues(ix.routineCompletionLookup, ix.routineCompletionOrder)
      case FromBucket(b) => ix.quickLookup.Get(b)
    else Found(ix.routineCompletionLookup, ix.quickSearchLookup.Get(SearchBucket(q)), hits)
  }

  /** The constants saved for a document, or none. */
  function ConstantsOf(ix: Index, uri: Uri): seq<CompletionItem>
  {
    if uri in ix.constantCompletionLookup then ix.constantCompletionLookup[uri] else []
  }

  /** The flat form of one table entry. */
  function InfoOf(e: Lookup): SymbolInformation
  {
    SymbolInformation(e.symbol.name, e.symbol.kind, Location(e.uri, e.symbol.range))
  }

  /** The table entries of one key, flattened. */
  function Infos(entries: seq<Lookup>): (r: seq<SymbolInformation>)
    ensures |r| == |entries| && forall i :: 0 <= i < |entries| ==> r[i] == InfoOf(entries[i])
  {
    seq(|entries|, i requires 0 <= i < |entries| => InfoOf(entries[i]))
  }

  /** The hits are positions of the key search array. */
  ghost predicate HitsIn(ix: Index, hits: seq<nat>)
  {
    KeysAligned(ix) && ValidHits(hits, |ix.symbolKeysSearch|)
  }

  /** The key a hit stands for. */
  function HitKey(ix: Index, h: nat): String
    requires h < |ix.symbolKeysSearch|
  {
    ix.symbolKeysSearch[h].target
  }

  /** `findSymbolsByName`: the entries of each hit key, hit by hit, each key's entries in insertion order. */
  function ByName(ix: Index, hits: seq<nat>): seq<SymbolInformation>
    requires HitsIn(ix, hits)
  {
    if |hits| == 0 then []
    else
      var h := hits[|hits| - 1];
      assert HitKey(ix, h) == ix.symbolKeys[h] && ix.symbolKeys[h] in ix.symbolKeys;
      ByName(ix, hits[..|hits| - 1]) + Infos(ix.symbols[HitKey(ix, h)])
  }

  /** The name `findSymbolDefinition` searches for: lower-cased, and `::` + the method of a `.` or `->` call. */
  function DefinitionName(name: String): String
  {
    var lower := LowerStr(name);
    if Contains(lower, ".") then
      SplitFirstPieces(lower, ".");
      "::" + Split(lower, ".")[1]
    else if Contains(lower, "->") then
      SplitFirstPieces(lower, "->");
      "::" + Split(lower, "->")[1]
    else lower
  }

  /** The four shapes the strict lookup accepts for the first hit. */
  predicate StrictMatch(symbolName: String, first: SymbolInformation, isFunction: bool)
  {
    var found := LowerStr(first.name);
    (Contains(symbolName, "::") && EndsWith(found, symbolName + "()") && isFunction) ||
    (Contains(symbolName, "::") && EndsWith(found, symbolName)) ||
    (found == symbolName + "()" && isFunction) ||
    found == symbolName
  }

  /**
   * The same four shapes read as a rule on the found (lower-cased) name: it is
   * the searched name, or that name with `()` for a function, or, for a
   * method name, it ends with the name (with `()` for a function).
   */
  ghost predicate StrictName(sn: String, n: String, isFunction: bool)
  {
    n == sn || (n == sn + "()" && isFunction) ||
    (Contains(sn, "::") && (EndsWith(n, sn) || (EndsWith(n, sn + "()") && isFunction)))
  }

  /** `findSymbolDefinition` for the selected word, with `hits` the matcher's hits for its definition name. */
  function Definition(ix: Index, word: SelectedWord, limit: bool, hits: seq<nat>): Option<Location>
    requires HitsIn(ix, hits)
  {
    var symbolName := DefinitionName(word.name);
    if symbolName == "" then None
    else
      var symbols := ByName(ix, hits);
      if |symbols| == 0 then None
      else if !limit || StrictMatch(symbolName, symbols[0], word.isFunction) then Some(symbols[0].location)
      else None
  }

  // ---------------------------------------------------------------------
  // Properties
  // ---------------------------------------------------------------------

  /**
   * The plain routing, case by case. Its third case (a method after `=`)
   * can never be reached because the first case already takes every query
   * with `=` before it, so plain mode never offers function methods.
   */
  lemma PlainRouteRule(q: SelectedWord)
    ensures PlainRoute(q) == FromBucket(FunctionsBucket) <==> q.equalBefore || q.isFunction
    ensures PlainRoute(q) == AllRoutines <==> !q.equalBefore && !q.isFunction && q.name == ""
    ensures PlainRoute(q) == FromBucket(ProcedureMethodsBucket) <==>
      !q.equalBefore && !q.isFunction && q.name != "" && q.isMethod
    ensures PlainRoute(q) == FromBucket(ProceduresBucket) <==>
      !q.equalBefore && !q.isFunction && q.name != "" && !q.isMethod
    ensures PlainRoute(q) != FromBucket(FunctionMethodsBucket)
  {
  }

  /** The optimized routing, case by case: function methods exactly for a method after `=`. */
  lemma SearchBucketRule(q: SelectedWord)
    ensures SearchBucket(q) == FunctionMethodsBucket <==> q.isMethod && q.equalBefore
    ensures SearchBucket(q) == ProcedureMethodsBucket <==> q.isMethod && !q.equalBefore
    ensures SearchBucket(q) == FunctionsBucket <==> !q.isMethod && (q.equalBefore || q.isFunction)
    ensures SearchBucket(q) == ProceduresBucket <==> !q.isMethod && !q.equalBefore && !q.isFunction
  {
  }

  /** With the key order in step with the lookup, `Object.values` lists every routine item once per key. */
  lemma {:induction false} RoutineValuesRule(lookup: map<String, CompletionItem>, order: seq<String>)
    requires forall k :: k in order ==> k in lookup
    ensures var r := RoutineValues(lookup, order);
      |r| == |order| && forall i :: 0 <= i < |order| ==> r[i] == lookup[order[i]]
  {
    if |order| > 0 {
      var front := order[..|order| - 1];
      forall k | k in front ensures k in lookup {
        assert k in order;
      }
      RoutineValuesRule(lookup, front);
    }
  }

  /** Hit `j` is answered by `item`: the routine item filed under the hit's lower-cased target. */
  ghost predicate Answers(lookup: map<String, CompletionItem>, search: seq<Prepared>, hits: seq<nat>, j: int, item: CompletionItem)
  {
    0 <= j < |hits| && hits[j] < |search| && LowerStr(search[hits[j]].target) in lookup &&
    item == lookup[LowerStr(search[hits[j]].target)] && LowerStr(item.labelText) == LowerStr(search[hits[j]].target)
  }

  /** Some hit is answered by `item`. */
  ghost predicate Answered(lookup: map<String, CompletionItem>, search: seq<Prepared>, hits: seq<nat>, item: CompletionItem)
  {
    exists j :: Answers(lookup, search, hits, j, item)
  }

  /**
   * The optimized search returns, for the hits in order, the routine item
   * whose lower-cased label is the lower-cased hit target, skipping hits
   * whose routine is no longer present: every item answers a hit, and every
   * hit whose routine is present is answered.
   */
  lemma {:induction false} FoundRule(lookup: map<String, CompletionItem>, search: seq<Prepared>, hits: seq<nat>)
    requires ValidHits(hits, |search|)
    requires forall k :: k in lookup ==> LowerStr(lookup[k].labelText) == k
    ensures |Found(lookup, search, hits)| <= |hits|
    ensures forall i :: 0 <= i < |Found(lookup, search, hits)| ==> Answered(lookup, search, hits, Found(lookup, search, hits)[i])
    ensures forall j :: 0 <= j < |hits| && LowerStr(search[hits[j]].target) in lookup ==>
      lookup[LowerStr(search[hits[j]].target)] in Found(lookup, search, hits)
  {
    if |hits| > 0 {
      var front := hits[..|hits| - 1];
      FoundRule(lookup, search, front);
      var r := Found(lookup, search, hits);
      var rest := Found(lookup, search, front);
      forall i | 0 <= i < |r| ensures Answered(lookup, search, hits, r[i]) {
        if i < |rest| {
          assert Answered(lookup, search, front, rest[i]);
          var j :| Answers(lookup, search, front, j, rest[i]);
          assert hits[j] == front[j];
          assert Answers(lookup, search, hits, j, r[i]);
        } else {
          assert Answers(lookup, search, hits, |hits| - 1, r[i]);
        }
      }
      forall j | 0 <= j < |hits| && LowerStr(search[hits[j]].target) in lookup
        ensures lookup[LowerStr(search[hits[j]].target)] in r
      {
        if j < |front| {
          assert hits[j] == front[j];
        }
      }
    }
  }

  /** Entry `e` is stored under the key of hit `j`. */
  ghost predicate StoredUnder(ix: Index, hits: seq<nat>, j: int, e: Lookup)
  {
    0 <= j < |hits| && hits[j] < |ix.symbolKeysSearch| && HitKey(ix, hits[j]) in ix.symbols &&
    e in ix.symbols[HitKey(ix, hits[j])]
  }

  /** `x` is the flat form of some entry stored under a hit key. */
  ghost predicate Listed(ix: Index, hits: seq<nat>, x: SymbolInformation)
  {
    exists j, e :: StoredUnder(ix, hits, j, e) && x == InfoOf(e)
  }

  /**
   * `findSymbolsByName` lists exactly the entries of the hit keys: every
   * result is an entry stored under some hit's key, located at that entry's
   * document and range, and every entry of every hit key is listed.
   */
  lemma {:induction false} ByNameRule(ix: Index, hits: seq<nat>)
    requires HitsIn(ix, hits)
    ensures var r := ByName(ix, hits);
      (forall x :: x in r ==> Listed(ix, hits, x)) &&
      (forall j, e :: StoredUnder(ix, hits, j, e) ==> InfoOf(e) in r)
  {
    if |hits| > 0 {
      var front := hits[..|hits| - 1];
      var h := hits[|hits| - 1];
      ByNameRule(ix, front);
      assert HitKey(ix, h) == ix.symbolKeys[h] && ix.symbolKeys[h] in ix.symbolKeys;
      var last := Infos(ix.symbols[HitKey(ix, h)]);
      var r := ByName(ix, hits);
      assert r == ByName(ix, front) + last;
      forall x | x in r ensures Listed(ix, hits, x) {
        if x in ByName(ix, front) {
          assert Listed(ix, front, x);
          var j, e :| StoredUnder(ix, front, j, e) && x == InfoOf(e);
          assert hits[j] == front[j];
          assert StoredUnder(ix, hits, j, e);
        } else {
          var i :| 0 <= i < |last| && last[i] == x;
          var e := ix.symbols[HitKey(ix, h)][i];
          assert StoredUnder(ix, hits, |hits| - 1, e);
        }
      }
      forall j, e | StoredUnder(ix, hits, j, e) ensures InfoOf(e) in r {
        if j < |front| {
          assert hits[j] == front[j];
          assert StoredUnder(ix, front, j, e);
        } else {
          var i :| 0 <= i < |ix.symbols[HitKey(ix, h)]| && ix.symbols[HitKey(ix, h)][i] == e;
          assert last[i] == InfoOf(e);
        }
      }
    }
  }

  /** The entries stored under the key a hit stands for. */
  function HitEntries(ix: Index, h: nat): seq<Lookup>
    requires KeysAligned(ix) && h < |ix.symbolKeysSearch|
  {
    assert HitKey(ix, h) == ix.symbolKeys[h] && ix.symbolKeys[h] in ix.symbolKeys;
    ix.symbols[HitKey(ix, h)]
  }

  /** Hit `k` is the first hit whose key has any entry. */
  ghost predicate FirstFilledHit(ix: Index, hits: seq<nat>, k: int)
    requires HitsIn(ix, hits)
  {
    0 <= k < |hits| && |HitEntries(ix, hits[k])| > 0 &&
    forall i :: 0 <= i < k ==> |HitEntries(ix, hits[i])| == 0
  }

  /**
   * The head of `findSymbolsByName`: the list is empty exactly when every
   * hit key has no entry, and otherwise it starts with the first entry of
   * the first hit key that has one.
   */
  lemma {:induction false} ByNameFirst(ix: Index, hits: seq<nat>)
    requires HitsIn(ix, hits)
    ensures |ByName(ix, hits)| == 0 <==> forall i :: 0 <= i < |hits| ==> |HitEntries(ix, hits[i])| == 0
    ensures forall k :: FirstFilledHit(ix, hits, k) ==> ByName(ix, hits)[0] == InfoOf(HitEntries(ix, hits[k])[0])
  {
    if |hits| > 0 {
      var front := hits[..|hits| - 1];
      var h := hits[|hits| - 1];
      ByNameFirst(ix, front);
      assert ByName(ix, hits) == ByName(ix, front) + Infos(HitEntries(ix, h));
      forall i | 0 <= i < |front| ensures front[i] == hits[i] { }
      forall k | FirstFilledHit(ix, hits, k) ensures ByName(ix, hits)[0] == InfoOf(HitEntries(ix, hits[k])[0]) {
        if k < |front| {
          assert FirstFilledHit(ix, front, k);
        } else {
          assert |ByName(ix, front)| == 0;
        }
      }
      if forall i :: 0 <= i < |hits| ==> |HitEntries(ix, hits[i])| == 0 {
        assert |Infos(HitEntries(ix, h))| == 0;
      }
    }
  }

  /** `loc` is where an entry stored under a hit key is, and in strict mode that entry's name has a strict shape. */
  ghost predicate DefinedBy(ix: Index, hits: seq<nat>, loc: Location, limit: bool, sn: String, isFunction: bool)
  {
    exists j, e :: StoredUnder(ix, hits, j, e) && loc == Location(e.uri, e.symbol.range) &&
      (limit ==> StrictName(sn, LowerStr(e.symbol.name), isFunction))
  }

  /**
   * `findSymbolDefinition`: no name, no location; loose mode gives the first
   * listed entry; strict mode gives it only when its lower-cased name is the
   * searched name, or that name with `()` for a function, or, for a method
   * name, ends with it (or with it and `()` for a function). Whatever is
   * returned is the location of the first listed entry (see `ByNameFirst`
   * for which entry that is), a stored entry of a hit key.
   */
  lemma DefinitionRule(ix: Index, word: SelectedWord, limit: bool, hits: seq<nat>)
    requires HitsIn(ix, hits)
    ensures var d := Definition(ix, word, limit, hits); var sn := DefinitionName(word.name);
      (sn == "" ==> d.None?) &&
      (sn != "" && !limit ==> (d.Some? <==> |ByName(ix, hits)| > 0)) &&
      (sn != "" && limit ==>
        (d.Some? <==> |ByName(ix, hits)| > 0 && StrictName(sn, LowerStr(ByName(ix, hits)[0].name), word.isFunction))) &&
      (d.Some? ==> |ByName(ix, hits)| > 0 && d.value == ByName(ix, hits)[0].location) &&
      (d.Some? ==> DefinedBy(ix, hits, d.value, limit, sn, word.isFunction))
  {
    var sn := DefinitionName(word.name);
    var d := Definition(ix, word, limit, hits);
    if d.Some? {
      var r := ByName(ix, hits);
      ByNameRule(ix, hits);
      assert r[0] in r;
      assert Listed(ix, hits, r[0]);
      var j, e :| StoredUnder(ix, hits, j, e) && r[0] == InfoOf(e);
      assert DefinedBy(ix, hits, d.value, limit, sn, word.isFunction) by {
        assert StoredUnder(ix, hits, j, e) && d.value == Location(e.uri, e.symbol.range);
      }
    }
  }

  /** The searched name drops everything up to the first `.` (else `->`) and marks the rest as a method. */
  lemma DefinitionNameRule(name: String)
    ensures var lower := LowerStr(name); var sn := DefinitionName(name);
      (!Contains(lower, ".") && !Contains(lower, "->") ==> sn == lower) &&
      (Contains(lower, ".") ==> exists a, b :: FirstPieces(lower, ".", a, b) && sn == "::" + b) &&
      (!Contains(lower, ".") && Contains(lower, "->") ==> exists a, b :: FirstPieces(lower, "->", a, b) && sn == "::" + b)
  {
    var lower := LowerStr(name);
    if Contains(lower, ".") {
      SplitFirstPieces(lower, ".");
    } else if Contains(lower, "->") {
      SplitFirstPieces(lower, "->");
    }
  }
}
