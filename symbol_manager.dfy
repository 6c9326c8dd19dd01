/**
 * The newer workspace symbol index, `IDLSymbolManager`, as a class whose
 * fields are the index maps and arrays the server updates in place. Each
 * method is proved to leave `State()` where the matching function of
 * `SymbolIndex` or `SymbolQueries` says; the invariants and the facts about
 * those functions are proved there.
 */
module SymbolManager {
  import opened Text
  import opened Lsp
  import opened RoutineExtras
  import opened SymbolIndex
  import opened SymbolQueries
  import FileHelper
  import SymbolExtractor

  class IDLSymbolManager {
    var symbols: map<String, seq<Lookup>>
    var symbolKeys: seq<String>
    var symbolKeysSearch: seq<Prepared>
    var constantCompletionLookup: map<Uri, seq<CompletionItem>>
    var routineCompletionLookup: map<String, CompletionItem>
    /** The keys of `routineCompletionLookup` in insertion order (the order `Object.values` follows). */
    var routineCompletionOrder: seq<String>
    var routineSymbolLookup: map<String, Symbol>
    var quickLookup: Buckets<CompletionItem>
    var quickSearchLookup: Buckets<Prepared>
    /** The memoized results of `get.documentSymbols`, by document. */
    var cache: map<Uri, seq<Symbol>>
    /** The server's file helper (`idl.files`). */
    const files: FileHelper.FileHelper

    /** The index fields as one value. */
    function State(): Index
      reads this
    {
      Index(symbols, symbolKeys, symbolKeysSearch, constantCompletionLookup, routineCompletionLookup,
            routineCompletionOrder, routineSymbolLookup, quickLookup, quickSearchLookup)
    }

    ghost predicate Valid()
      reads this, files
    {
      SymbolIndex.Valid(State()) && files.Valid()
    }

    constructor(files: FileHelper.FileHelper)
      requires files.Valid()
      ensures Valid() && State() == EmptyIndex && cache == map[] && this.files == files
    {
      symbols := map[];
      symbolKeys := [];
      symbolKeysSearch := [];
      constantCompletionLookup := map[];
      routineCompletionLookup := map[];
      routineCompletionOrder := [];
      routineSymbolLookup := map[];
      quickLookup := Buckets([], [], [], []);
      quickSearchLookup := Buckets([], [], [], []);
      cache := map[];
      this.files := files;
    }

    // -------------------------------------------------------------------
    // Indexing (the body of `get.documentSymbols`)
    // -------------------------------------------------------------------

    /** One turn of the `forEach` over the found symbols: variables are skipped. */
    method IndexSymbol(uri: Uri, s: Symbol)
      modifies this
      ensures State() == AddSymbol(old(State()), uri, s) && cache == old(cache)
    {
      if s.kind != Variable {
        EnterSymbol(uri, s);
        EnterLookups(s);
      }
    }

    /** The table part of one turn: a new key goes into the table and both arrays, a known key gets the entry. */
    method EnterSymbol(uri: Uri, s: Symbol)
      modifies this
      ensures State() == AddEntry(old(State()), uri, s) && cache == old(cache)
    {
      var info := Lookup(uri, s);
      var key := LowerStr(s.name);
      var prepped := Prepared(key);
      if key in symbols {
        symbols := symbols[key := symbols[key] + [info]];
      } else {
        symbols := symbols[key := [info]];
        symbolKeys := symbolKeys + [key];
        symbolKeysSearch := symbolKeysSearch + [prepped];
      }
    }

    /** The lookup part of one turn: the routine symbol, its bucket and its completion item. */
    method EnterLookups(s: Symbol)
      modifies this
      ensures State() == AddLookups(old(State()), s) && cache == old(cache)
    {
      var key := LowerStr(s.name);
      routineSymbolLookup := routineSymbolLookup[key := s];
      var bucket, item := CompletionFor(s);
      if bucket.Some? {
        PushCompletion(bucket.value, item, key);
      }
      if key !in routineCompletionLookup {
        routineCompletionOrder := routineCompletionOrder + [key];
      }
      routineCompletionLookup := routineCompletionLookup[key := item];
    }

    /** The push onto a bucket of both `quickLookup` and `quickSearchLookup`. */
    method PushCompletion(b: Bucket, item: CompletionItem, key: String)
      modifies this
      ensures quickLookup == old(quickLookup).Push(b, item)
      ensures quickSearchLookup == old(quickSearchLookup).Push(b, Prepared(key))
      ensures symbols == old(symbols) && symbolKeys == old(symbolKeys) && symbolKeysSearch == old(symbolKeysSearch)
      ensures constantCompletionLookup == old(constantCompletionLookup) && cache == old(cache)
      ensures routineCompletionLookup == old(routineCompletionLookup) && routineCompletionOrder == old(routineCompletionOrder)
      ensures routineSymbolLookup == old(routineSymbolLookup)
    {
      quickLookup := quickLookup.Push(b, item);
      quickSearchLookup := quickSearchLookup.Push(b, Prepared(key));
    }

    /**
     * The completion item of a routine and the bucket it is pushed onto. The
     * item pushed is the object whose `insertText` is set right after the
     * push, so the bucket holds the item with it.
     */
    static method CompletionFor(s: Symbol) returns (bucket: Option<Bucket>, item: CompletionItem)
      ensures bucket == BucketOf(s) && item == CompletionOf(s)
    {
      var split := Split(s.name, "::");
      var isMethod := false;
      var replaceName := "";
      if |split| == 1 {
        replaceName := s.name;
      } else {
        replaceName := split[1];
        isMethod := true;
      }
      bucket := None;
      var insertText: String;
      if Contains(s.detail, "Function") && isMethod {
        bucket := Some(FunctionMethodsBucket);
        insertText := DropLast(replaceName);
      } else if Contains(s.detail, "Function") {
        bucket := Some(FunctionsBucket);
        insertText := DropLast(replaceName);
      } else if Contains(s.detail, "Procedure") && isMethod {
        bucket := Some(ProcedureMethodsBucket);
        insertText := replaceName + ",";
      } else if Contains(s.detail, "Procedure") {
        bucket := Some(ProceduresBucket);
        insertText := replaceName + ",";
      } else {
        insertText := replaceName;
      }
      item := CompletionItem(s.name, Some(CompletionKindOf(s.kind)), Some(insertText), None);
    }

    /** The constant filter: the first variable of each lower-cased name, as completion items. */
    static method KeepConstants(found: seq<Symbol>) returns (items: seq<CompletionItem>)
      ensures items == ConstantItems(found)
    {
      var constantNames: seq<String> := [];
      var kept: seq<Symbol> := [];
      for i := 0 to |found|
        invariant kept == KeptConstants(found[..i])
        invariant constantNames == Keys(kept)
      {
        assert found[..i + 1][..i] == found[..i];
        var symbol := found[i];
        var flag := false;
        if symbol.kind == Variable {
          var saveName := LowerStr(symbol.name);
          if Find(constantNames, saveName) == -1 {
            constantNames := constantNames + [saveName];
            flag := true;
          }
        }
        if flag {
          kept := kept + [symbol];
        }
      }
      assert found[..|found|] == found;
      items := seq(|kept|, j requires 0 <= j < |kept| => ConstantCompletion(kept[j]));
    }

    /** The indexing body: every found symbol in turn, then the document's constants. */
    method IndexDocument(uri: Uri, found: seq<Symbol>)
      modifies this
      ensures State() == IndexFound(old(State()), uri, found) && cache == old(cache)
    {
      for i := 0 to |found|
        invariant State() == AddSymbols(old(State()), uri, found[..i])
        invariant cache == old(cache)
      {
        assert found[..i + 1][..i] == found[..i];
        IndexSymbol(uri, found[i]);
      }
      assert found[..|found|] == found;
      var items := KeepConstants(found);
      constantCompletionLookup := constantCompletionLookup[uri := items];
    }

    /**
     * `get.documentSymbols(uri)`: the memoized symbols when cached; otherwise
     * the file's cleaned text is symbolized, indexed and cached. `source` is
     * what the editor or the disk would give for the file.
     */
    method DocumentSymbols(uri: Uri, source: String) returns (r: seq<Symbol>)
      requires Valid()
      modifies this, files
      ensures Valid()
      ensures old(uri in cache) ==>
        r == old(cache[uri]) && State() == old(State()) && cache == old(cache) &&
        files.regexString == old(files.regexString) && files.strings == old(files.strings)
      ensures !old(uri in cache) ==>
        r == SymbolExtractor.DocumentSymbols(FileText(old(files.regexString), uri, source)) &&
        State() == IndexFound(old(State()), uri, r) && cache == old(cache)[uri := r]
    {
      if uri in cache {
        r := cache[uri];
      } else {
        r := LoadDocument(uri, source);
      }
    }

    /** The cache-miss path of `get.documentSymbols`: read, symbolize, index, cache. */
    method LoadDocument(uri: Uri, source: String) returns (r: seq<Symbol>)
      requires Valid() && uri !in cache
      modifies this, files
      ensures Valid()
      ensures r == SymbolExtractor.DocumentSymbols(FileText(old(files.regexString), uri, source))
      ensures State() == IndexFound(old(State()), uri, r) && cache == old(cache)[uri := r]
    {
      ghost var ix := State();
      var text := ReadText(uri, source);
      r := SymbolExtractor.SymbolizeAsDocumentSymbols(text);
      IndexFoundValid(ix, uri, r);
      IndexDocument(uri, r);
      cache := cache[uri := r];
    }

    /** `idl.files.getFileString(uri)`: the cached cleaned text, read and cleaned when absent. */
    method ReadText(uri: Uri, source: String) returns (text: String)
      requires files.Valid()
      modifies files
      ensures files.Valid()
      ensures text == FileText(old(files.regexString), uri, source)
    {
      text := files.GetFileString(uri, source, false);
    }

    // -------------------------------------------------------------------
    // Removal
    // -------------------------------------------------------------------

    /** One bucket clean-up of `_removeSymbols`: `splice(idx, 0)` at the label's position, which removes nothing. */
    method SpliceBucket(b: Bucket, name: String)
      modifies this
      ensures State() == old(State()) && cache == old(cache)
    {
      var items := quickLookup.Get(b);
      var idx := Find(LowerLabels(items), name);
      if idx != -1 {
        var spliced := Splice(items, idx, 0);
        SpliceNothing(items, idx);
        quickLookup := quickLookup.With(b, spliced);
        var searches := quickSearchLookup.Get(b);
        var splicedSearches := Splice(searches, idx, 0);
        SpliceNothing(searches, idx);
        quickSearchLookup := quickSearchLookup.With(b, splicedSearches);
      }
    }

    /** One turn of the `forEach` of `_removeSymbols`. */
    method RemoveSymbolStep(uri: Uri, s: Symbol)
      modifies this
      ensures State() == RemoveSymbol(old(State()), uri, s) && cache == old(cache)
    {
      var key := LowerStr(s.name);
      ClearRoutineStep(key);
      RemoveEntriesStep(uri, key);
    }

    /** The lookup part of one removal turn: `key + "("` is deleted, the buckets are spliced by nothing. */
    method ClearRoutineStep(key: String)
      modifies this
      ensures State() == ClearRoutine(old(State()), key) && cache == old(cache)
    {
      if key in routineCompletionLookup {
        routineCompletionLookup := routineCompletionLookup - {key + "("};
        routineCompletionOrder := Drop(routineCompletionOrder, key + "(");
        SpliceBucket(FunctionsBucket, key + "()");
        SpliceBucket(FunctionMethodsBucket, key);
        SpliceBucket(ProceduresBucket, key + "()");
        SpliceBucket(ProcedureMethodsBucket, key);
      }
      if key in routineSymbolLookup {
        routineSymbolLookup := routineSymbolLookup - {key};
      }
    }

    /** The table part of one removal turn. */
    method RemoveEntriesStep(uri: Uri, key: String)
      modifies this
      ensures State() == RemoveEntries(old(State()), uri, key) && cache == old(cache)
    {
      if key in symbols {
        if |symbols[key]| == 1 {
          var idx := Find(symbolKeys, key);
          if idx != -1 {
            symbolKeys := Splice(symbolKeys, idx, 1);
            symbolKeysSearch := Splice(symbolKeysSearch, idx, 1);
          }
          symbols := symbols - {key};
        } else {
          var kept := RemoveMatches(symbols[key], uri);
          symbols := symbols[key := kept];
        }
      }
    }

    /**
     * `_removeSymbols(uri, symbols)`: the file's constants go, then each
     * symbol is removed in turn.
     */
    method RemoveSymbols(uri: Uri, ss: seq<Symbol>)
      modifies this
      ensures State() == SymbolIndex.RemoveSymbols(old(State()), uri, ss) && cache == old(cache)
    {
      constantCompletionLookup := constantCompletionLookup - {uri};
      ghost var start := State();
      for i := 0 to |ss|
        invariant State() == RemoveSymbolsFrom(start, uri, ss[..i])
        invariant cache == old(cache)
      {
        assert ss[..i + 1][..i] == ss[..i];
        RemoveSymbolStep(uri, ss[i]);
      }
      assert ss[..|ss|] == ss;
    }

    /**
     * `remove(uri)`: the file helper forgets the file; the index forgets the
     * document's symbols only when they are cached, and the cache entry goes.
     */
    method Remove(uri: Uri)
      requires Valid()
      modifies this, files
      ensures Valid()
      ensures State() == Removed(old(State()), old(cache), uri) && cache == old(cache) - {uri}
      ensures files.regexString == old(files.regexString) - {uri} && files.strings == old(files.strings) - {uri}
    {
      files.Remove(uri);
      if uri in cache {
        var ss := cache[uri];
        RemoveSymbols(uri, ss);
        cache := cache - {uri};
        RemoveSymbolsValid(old(State()), uri, ss);
      }
    }

    /** `update(uri)`: remove, then index the document again from a fresh read of `source`. */
    method Update(uri: Uri, source: String) returns (r: seq<Symbol>)
      requires Valid()
      modifies this, files
      ensures Valid()
      ensures r == SymbolExtractor.DocumentSymbols(Join(FileHelper.CleanedLines(source), "\n"))
      ensures State() == IndexFound(Removed(old(State()), old(cache), uri), uri, r)
      ensures cache == (old(cache) - {uri})[uri := r]
    {
      Remove(uri);
      r := DocumentSymbols(uri, source);
    }

    // -------------------------------------------------------------------
    // Requests
    // -------------------------------------------------------------------

    /** `Object.values(routineCompletionLookup)`. */
    method RoutineValuesOf() returns (items: seq<CompletionItem>)
      ensures items == RoutineValues(routineCompletionLookup, routineCompletionOrder)
    {
      items := [];
      for i := 0 to |routineCompletionOrder|
        invariant items == RoutineValues(routineCompletionLookup, routineCompletionOrder[..i])
      {
        assert routineCompletionOrder[..i + 1][..i] == routineCompletionOrder[..i];
        var k := routineCompletionOrder[i];
        if k in routineCompletionLookup {
          items := items + [routineCompletionLookup[k]];
        }
      }
      assert routineCompletionOrder[..|routineCompletionOrder|] == routineCompletionOrder;
    }

    /** `_searchRoutines(query, optimized)`; `hits` are the matcher's hits in the searched bucket. */
    method SearchRoutines(query: SelectedWord, optimized: bool, hits: seq<nat>) returns (items: seq<CompletionItem>)
      requires optimized ==> ValidHits(hits, |quickSearchLookup.Get(SearchBucket(query))|)
      ensures items == SymbolQueries.SearchRoutines(State(), query, optimized, hits)
    {
      if !optimized {
        if query.equalBefore || query.isFunction {
          return quickLookup.functions;
        } else if query.name == "" {
          items := RoutineValuesOf();
          return;
        } else if query.isMethod && query.equalBefore {
          return quickLookup.functionMethods;
        } else if query.isMethod && !query.equalBefore {
          return quickLookup.procedureMethods;
        } else {
          return quickLookup.procedures;
        }
      }
      var matches: seq<Prepared>;
      if query.isMethod && query.equalBefore {
        matches := quickSearchLookup.functionMethods;
      } else if query.isMethod && !query.equalBefore {
        matches := quickSearchLookup.procedureMethods;
      } else if query.equalBefore || query.isFunction {
        matches := quickSearchLookup.functions;
      } else {
        matches := quickSearchLookup.procedures;
      }
      assert matches == quickSearchLookup.Get(SearchBucket(query));
      items := [];
      for idx := 0 to |hits|
        invariant items == Found(routineCompletionLookup, matches, hits[..idx])
      {
        assert hits[..idx + 1][..idx] == hits[..idx];
        var lc := LowerStr(matches[hits[idx]].target);
        if lc in routineCompletionLookup {
          items := items + [routineCompletionLookup[lc]];
        }
      }
      assert hits[..|hits|] == hits;
    }

    /** `completion(query, uri, optimized)`: the document's constants, then the routine search. */
    method Completion(query: SelectedWord, uri: Uri, optimized: bool, hits: seq<nat>) returns (items: seq<CompletionItem>)
      requires optimized ==> ValidHits(hits, |quickSearchLookup.Get(SearchBucket(query))|)
      ensures items == ConstantsOf(State(), uri) + SymbolQueries.SearchRoutines(State(), query, optimized, hits)
    {
      items := [];
      if uri in constantCompletionLookup {
        items := constantCompletionLookup[uri];
      }
      var add := SearchRoutines(query, optimized, hits);
      if |items| == 0 {
        items := add;
      } else {
        items := items + add;
      }
    }

    /**
     * `findSymbolsByName(query)`; `hits` are the matcher's hits in `symbolKeysSearch`.
     * The older manager's `searchByName` is the same loop and is specified by the same `SymbolQueries.ByName`.
     */
    method FindSymbolsByName(hits: seq<nat>) returns (symbolInfo: seq<SymbolInformation>)
      requires Valid() && ValidHits(hits, |symbolKeysSearch|)
      ensures symbolInfo == ByName(State(), hits)
    {
      var results: seq<seq<Lookup>> := [];
      for i := 0 to |hits|
        invariant |results| == i
        invariant forall j :: 0 <= j < i ==> results[j] == symbols[HitKey(State(), hits[j])]
      {
        var key := symbolKeysSearch[hits[i]].target;
        assert key == symbolKeys[hits[i]] && key in symbolKeys;
        results := results + [symbols[key]];
      }
      symbolInfo := [];
      for i := 0 to |results|
        invariant symbolInfo == ByName(State(), hits[..i])
      {
        assert hits[..i + 1][..i] == hits[..i];
        var lookups := results[i];
        var before := symbolInfo;
        for j := 0 to |lookups|
          invariant symbolInfo == before + Infos(lookups[..j])
        {
          var lookup := lookups[j];
          symbolInfo := symbolInfo + [SymbolInformation(lookup.symbol.name, lookup.symbol.kind, Location(lookup.uri, lookup.symbol.range))];
        }
        assert lookups[..|lookups|] == lookups;
      }
      assert hits[..|hits|] == hits;
    }

    /**
     * `getSelectedSymbol`: the word under the cursor on line `line` of the
     * file's cleaned lines; `None` where the source reads past the last line
     * and fails.
     */
    method GetSelectedSymbol(uri: Uri, source: String, line: nat, character: nat) returns (w: Option<SelectedWord>)
      requires Valid()
      modifies files
      ensures Valid()
      ensures uri in files.strings
      ensures var lines := FileHelper.CleanedLines(files.strings[uri]);
        w == if line < |lines| then Some(SymbolExtractor.SelectedWordOf(lines[line], character)) else None
    {
      var lines := files.GetFileStrings(uri, source, false);
      if line < |lines| {
        var word := SymbolExtractor.GetSelectedWord(lines[line], character);
        w := Some(word);
      } else {
        w := None;
      }
    }

    /**
     * `findSymbolDefinition` from the selected word on: the searched name,
     * then the first listed entry, strictly checked when `limit` is set.
     * `hits` are the matcher's hits for the searched name.
     */
    method FindSymbolDefinition(res: SelectedWord, limit: bool, hits: seq<nat>) returns (placeholder: Option<Location>)
      requires Valid() && ValidHits(hits, |symbolKeysSearch|)
      ensures placeholder == Definition(State(), res, limit, hits)
    {
      var symbolName := LowerStr(res.name);
      var functionFlag := res.isFunction;
      if Contains(symbolName, ".") {
        SplitFirstPieces(symbolName, ".");
        symbolName := "::" + Split(symbolName, ".")[1];
      } else if Contains(symbolName, "->") {
        SplitFirstPieces(symbolName, "->");
        symbolName := "::" + Split(symbolName, "->")[1];
      }
      placeholder := None;
      if symbolName != "" {
        var symbols := FindSymbolsByName(hits);
        if |symbols| > 0 {
          if limit {
            var found := LowerStr(symbols[0].name);
            if Contains(symbolName, "::") && EndsWith(found, symbolName + "()") && functionFlag {
              placeholder := Some(symbols[0].location);
            } else if Contains(symbolName, "::") && EndsWith(found, symbolName) {
              placeholder := Some(symbols[0].location);
            } else if found == symbolName + "()" && functionFlag {
              placeholder := Some(symbols[0].location);
            } else if found == symbolName {
              placeholder := Some(symbols[0].location);
            }
          } else {
            placeholder := Some(symbols[0].location);
          }
        }
      }
    }
  }

  /** The text `getFileString` gives: the cached cleaned text, else the cleaned `source`. */
  function FileText(regexString: map<Uri, String>, uri: Uri, source: String): String
  {
    if uri in regexString then regexString[uri] else Join(FileHelper.CleanedLines(source), "\n")
  }

  /** The index after `remove(uri)`: the cached symbols of the document removed, if there are any. */
  function Removed(ix: Index, cache: map<Uri, seq<Symbol>>, uri: Uri): Index
  {
    if uri in cache then SymbolIndex.RemoveSymbols(ix, uri, cache[uri]) else ix
  }

  /**
   * The multi-entry branch of `_removeSymbols`: collect the positions of the
   * entries of `uri`, reverse them, and splice each out. The result is
   * exactly the entries of other documents, in their order.
   */
  method RemoveMatches(entries: seq<Lookup>, uri: Uri) returns (r: seq<Lookup>)
    ensures r == WithoutUri(entries, uri)
  {
    var remove := PositionsOf(entries, uri);
    r := entries;
    // `remove.reverse()` then `forEach`: the positions from the last to the first.
    for t := 0 to |remove|
      invariant r == entries[..Bound(entries, remove, t)] + WithoutUri(entries[Bound(entries, remove, t)..], uri)
    {
      RemoveStep(entries, uri, remove, t, r);
      r := Splice(r, remove[|remove| - 1 - t], 1);
    }
    Spliced(entries, uri, remove);
  }

  /** One turn of the splicing loop: the next position from the end goes, and the filtered tail grows down to it. */
  lemma RemoveStep(entries: seq<Lookup>, uri: Uri, remove: seq<nat>, t: nat, r: seq<Lookup>)
    requires Positions(entries, uri, remove, |entries|) && t < |remove|
    requires r == entries[..Bound(entries, remove, t)] + WithoutUri(entries[Bound(entries, remove, t)..], uri)
    ensures Splice(r, remove[|remove| - 1 - t], 1) ==
            entries[..Bound(entries, remove, t + 1)] + WithoutUri(entries[Bound(entries, remove, t + 1)..], uri)
  {
    Gap(entries, uri, remove, t);
    SpliceStep(entries, uri, remove[|remove| - 1 - t], Bound(entries, remove, t), r);
  }

  /** The collecting loop of the multi-entry branch: the positions of the entries of `uri`, in order. */
  method PositionsOf(entries: seq<Lookup>, uri: Uri) returns (remove: seq<nat>)
    ensures Positions(entries, uri, remove, |entries|)
  {
    remove := [];
    for dIdx := 0 to |entries|
      invariant Positions(entries, uri, remove, dIdx)
    {
      if entries[dIdx].uri == uri {
        remove := remove + [dIdx];
      }
    }
  }

  /** Once every position is spliced out, what is left is the filtered list. */
  lemma Spliced(entries: seq<Lookup>, uri: Uri, remove: seq<nat>)
    requires Positions(entries, uri, remove, |entries|)
    ensures entries[..Bound(entries, remove, |remove|)] + WithoutUri(entries[Bound(entries, remove, |remove|)..], uri)
            == WithoutUri(entries, uri)
  {
    var p := Bound(entries, remove, |remove|);
    Gap(entries, uri, remove, |remove|);
    WithoutUriNone(entries[..p], uri);
    WithoutUriAppend(entries[..p], entries[p..], uri);
    assert entries[..p] + entries[p..] == entries;
  }

  /** `remove` holds, in increasing order, exactly the positions below `n` of the entries of `uri`. */
  ghost predicate Positions(entries: seq<Lookup>, uri: Uri, remove: seq<nat>, n: nat)
  {
    n <= |entries| &&
    (forall i :: 0 <= i < |remove| ==> remove[i] < n && entries[remove[i]].uri == uri) &&
    (forall i, j :: 0 <= i < j < |remove| ==> remove[i] < remove[j]) &&
    (forall k :: 0 <= k < n && entries[k].uri == uri ==> k in remove)
  }

  /** Where the spliced part starts once the last `t` positions are gone. */
  function Bound(entries: seq<Lookup>, remove: seq<nat>, t: nat): nat
  {
    if t == 0 || t > |remove| then |entries| else remove[|remove| - t]
  }

  /** Between two successive positions, and before the first, no entry belongs to `uri`. */
  lemma Gap(entries: seq<Lookup>, uri: Uri, remove: seq<nat>, t: nat)
    requires Positions(entries, uri, remove, |entries|) && t <= |remove|
    ensures Bound(entries, remove, t) <= |entries|
    ensures t < |remove| ==> remove[|remove| - 1 - t] < Bound(entries, remove, t)
    ensures t < |remove| ==> forall k :: remove[|remove| - 1 - t] < k < Bound(entries, remove, t) ==> entries[k].uri != uri
    ensures t == |remove| ==> forall k :: 0 <= k < Bound(entries, remove, t) ==> entries[k].uri != uri
  {
    var p := Bound(entries, remove, t);
    forall k | 0 <= k < p && entries[k].uri == uri && t > 0
      ensures remove[|remove| - t] > k || (t < |remove| && k <= remove[|remove| - 1 - t])
    {
      var m :| 0 <= m < |remove| && remove[m] == k;
      if m >= |remove| - t {
        assert remove[m] >= remove[|remove| - t];
      }
    }
  }

  /** The filter keeps a list with no entry of `uri` as it is. */
  lemma {:induction false} WithoutUriNone(s: seq<Lookup>, uri: Uri)
    requires forall k :: 0 <= k < |s| ==> s[k].uri != uri
    ensures WithoutUri(s, uri) == s
  {
    if |s| > 0 {
      WithoutUriNone(s[..|s| - 1], uri);
    }
  }

  /** Filtering from an entry of `uri` at `q`, with none between `q` and `p`, keeps the gap and the filtered rest. */
  lemma FilterFrom(entries: seq<Lookup>, uri: Uri, q: nat, p: nat)
    requires q < p <= |entries| && entries[q].uri == uri
    requires forall k :: q < k < p ==> entries[k].uri != uri
    ensures WithoutUri(entries[q..], uri) == entries[q + 1..p] + WithoutUri(entries[p..], uri)
  {
    var mid := entries[q + 1..p];
    WithoutUriNone(mid, uri);
    assert entries[q..] == [entries[q]] + mid + entries[p..];
    WithoutUriAppend([entries[q]] + mid, entries[p..], uri);
    WithoutUriAppend([entries[q]], mid, uri);
    assert WithoutUri([entries[q]], uri) == [];
  }

  /** Splicing out the entry of `uri` at `q`, with none between `q` and `p`, extends the filtered tail down to `q`. */
  lemma SpliceStep(entries: seq<Lookup>, uri: Uri, q: nat, p: nat, r: seq<Lookup>)
    requires q < p <= |entries| && entries[q].uri == uri
    requires forall k :: q < k < p ==> entries[k].uri != uri
    requires r == entries[..p] + WithoutUri(entries[p..], uri)
    ensures Splice(r, q, 1) == entries[..q] + WithoutUri(entries[q..], uri)
  {
    FilterFrom(entries, uri, q, p);
    SpliceOne(r, q);
    assert r[..q] == entries[..q];
    assert r[q + 1..] == entries[q + 1..p] + WithoutUri(entries[p..], uri);
  }
}
