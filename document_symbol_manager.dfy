/**
 * The older workspace symbol index, `IDLDocumentSymbolManager`, as a class
 * whose fields are the table and the two key arrays the server updates in
 * place, plus the memoized symbols of each document. Each method is proved
 * to leave `State()` where the matching function of `DocumentIndex` says.
 */
module DocumentSymbolManager {
  import opened Text
  import opened Lsp
  import opened SymbolIndex
  import opened SymbolQueries
  import opened DocumentIndex
  import DocumentSymbolExtractor
  import SymbolManager

  class IDLDocumentSymbolManager {
    var symbols: map<String, seq<Lookup>>
    var symbolKeys: seq<String>
    var symbolKeysSearch: seq<Prepared>
    /** The memoized results of `get.documentSymbols`, by document. */
    var cache: map<Uri, seq<Symbol>>

    /** The index fields as one value. */
    function State(): Index
      reads this
    {
      TableOnly(symbols, symbolKeys, symbolKeysSearch)
    }

    ghost predicate Valid()
      reads this
    {
      KeysAligned(State())
    }

    constructor()
      ensures Valid() && State() == EmptyIndex && cache == map[]
    {
      symbols := map[];
      symbolKeys := [];
      symbolKeysSearch := [];
      cache := map[];
    }

    // -------------------------------------------------------------------
    // Indexing (the body of `get.documentSymbols`)
    // -------------------------------------------------------------------

    /** One turn of the `forEach` over the found symbols: a known key gets the entry, a new one enters both arrays. */
    method IndexSymbol(uri: Uri, s: Symbol)
      modifies this
      ensures State() == AddEntry(old(State()), uri, s) && cache == old(cache)
    {
      var info := Lookup(uri, s);
      var key := LowerStr(s.name);
      if key in symbols {
        symbols := symbols[key := symbols[key] + [info]];
      } else {
        symbols := symbols[key := [info]];
        symbolKeys := symbolKeys + [key];
        symbolKeysSearch := symbolKeysSearch + [Prepared(key)];
      }
    }

    /**
     * `get.documentSymbols(uri)`: the memoized symbols when cached;
     * otherwise `text`, the document's text as the editor or the disk gives
     * it, is symbolized, every symbol is indexed, and the result is cached.
     */
    method DocumentSymbols(uri: Uri, text: String) returns (r: seq<Symbol>)
      requires Valid()
      modifies this
      ensures Valid()
      ensures old(uri in cache) ==> r == old(cache[uri]) && State() == old(State()) && cache == old(cache)
      ensures !old(uri in cache) ==>
        r == DocumentSymbolExtractor.DocumentSymbols(text) &&
        State() == AddDocSymbols(old(State()), uri, r) && cache == old(cache)[uri := r]
    {
      if uri in cache {
        return cache[uri];
      }
      r := DocumentSymbolExtractor.SymbolizeAsDocumentSymbols(text);
      IndexDocument(uri, r);
      cache := cache[uri := r];
    }

    /** The `forEach` over the found symbols. */
    method IndexDocument(uri: Uri, found: seq<Symbol>)
      requires Valid()
      modifies this
      ensures Valid()
      ensures State() == AddDocSymbols(old(State()), uri, found) && cache == old(cache)
    {
      for i := 0 to |found|
        invariant State() == AddDocSymbols(old(State()), uri, found[..i])
        invariant cache == old(cache)
      {
        assert found[..i + 1][..i] == found[..i];
        IndexSymbol(uri, found[i]);
      }
      assert found[..|found|] == found;
      AddDocSymbolsAligned(old(State()), uri, found);
    }

    // -------------------------------------------------------------------
    // Removal
    // -------------------------------------------------------------------

    /**
     * `_removeSymbols(uri, symbols)`: each symbol in turn; `thrown` is set
     * when a symbol's key is no longer in the table, where the source's
     * unguarded `this.symbols[key].length` throws and the loop stops.
     */
    method RemoveSymbols(uri: Uri, ss: seq<Symbol>) returns (thrown: bool)
      modifies this
      ensures State() == RemoveDocSymbols(old(State()), uri, ss).ix
      ensures thrown == RemoveDocSymbols(old(State()), uri, ss).thrown
      ensures cache == old(cache)
    {
      thrown := false;
      for i := 0 to |ss|
        invariant RemoveDocSymbols(old(State()), uri, ss[..i]) == Removal(State(), false)
        invariant cache == old(cache)
      {
        assert ss[..i + 1][..i] == ss[..i];
        var key := LowerStr(ss[i].name);
        if key !in symbols {
          thrown := true;
          RemovalStops(old(State()), uri, ss, i + 1);
          return;
        }
        if |symbols[key]| == 1 {
          var idx := Find(symbolKeys, key);
          if idx != -1 {
            symbolKeys := Splice(symbolKeys, idx, 1);
            symbolKeysSearch := Splice(symbolKeysSearch, idx, 1);
          }
          symbols := symbols - {key};
        } else {
          var kept := SymbolManager.RemoveMatches(symbols[key], uri);
          symbols := symbols[key := kept];
        }
      }
      assert ss[..|ss|] == ss;
    }

    /**
     * `remove(uri)`: nothing unless the document's symbols are cached; then
     * they are removed and, unless that threw, the cache entry goes. `ok` is
     * false when the returned promise rejects.
     */
    method Remove(uri: Uri) returns (ok: bool)
      requires Valid()
      modifies this
      ensures Valid()
      ensures old(uri !in cache) ==> ok && State() == old(State()) && cache == old(cache)
      ensures old(uri in cache) ==>
        var removal := RemoveDocSymbols(old(State()), uri, old(cache[uri]));
        State() == removal.ix && ok == !removal.thrown &&
        cache == if removal.thrown then old(cache) else old(cache) - {uri}
    {
      ok := true;
      if uri in cache {
        var ss := cache[uri];
        var thrown := RemoveSymbols(uri, ss);
        RemoveDocAligned(old(State()), uri, ss);
        if thrown {
          return false;
        }
        cache := cache - {uri};
      }
    }

    /** `update(uri)`: remove, then index the document again from `text`; `None` when the removal rejects. */
    method Update(uri: Uri, text: String) returns (r: Option<seq<Symbol>>)
      requires Valid()
      modifies this
      ensures Valid()
      ensures r.Some? ==> r.value == DocumentSymbolExtractor.DocumentSymbols(text) && uri in cache && cache[uri] == r.value
      ensures old(uri !in cache) ==> r.Some? && State() == AddDocSymbols(old(State()), uri, r.value)
      ensures old(uri in cache) ==>
        var removal := RemoveDocSymbols(old(State()), uri, old(cache[uri]));
        (removal.thrown ==> r.None? && State() == removal.ix && cache == old(cache)) &&
        (!removal.thrown ==> r.Some? && State() == AddDocSymbols(removal.ix, uri, r.value))
    {
      var ok := Remove(uri);
      if !ok {
        return None;
      }
      var found := DocumentSymbols(uri, text);
      r := Some(found);
    }

    // -------------------------------------------------------------------
    // Requests
    // -------------------------------------------------------------------

    /**
     * `searchByName(query)`; `hits` are the matcher's hits in `symbolKeysSearch`.
     * The newer manager's `findSymbolsByName` is the same loop, specified by the same `SymbolQueries.ByName`.
     */
    method SearchByName(hits: seq<nat>) returns (symbolInfo: seq<SymbolInformation>)
      requires Valid() && ValidHits(hits, |symbolKeysSearch|)
      ensures symbolInfo == ByName(State(), hits)
    {
      var results: seq<seq<Lookup>> := [];
      for i := 0 to |hits|
        invariant |results| == i
        invariant forall j :: 0 <= j < i ==> results[j] == symbols[HitKey(State(), hits[j])]
      {
        var key := symbolKeysSearch[hits[i]].target;
        assert key == symbolKeys[hits[i]] && key in symbolKeys;
        results := results + [symbols[key]];
      }
      symbolInfo := [];
      for i := 0 to |results|
        invariant symbolInfo == ByName(State(), hits[..i])
      {
        assert hits[..i + 1][..i] == hits[..i];
        var lookups := results[i];
        var before := symbolInfo;
        for j := 0 to |lookups|
          invariant symbolInfo == before + Infos(lookups[..j])
        {
          var lookup := lookups[j];
          symbolInfo := symbolInfo + [SymbolInformation(lookup.symbol.name, lookup.symbol.kind, Location(lookup.uri, lookup.symbol.range))];
        }
        assert lookups[..|lookups|] == lookups;
      }
      assert hits[..|hits|] == hits;
    }

    /**
     * `searchByLine(params)`: the word under the cursor on line `line` of
     * `text`, then the first listed entry when its name is that word up to
     * case. On a line past the end the source reads `undefined` and throws a
     * `TypeError`: `thrown` is set and nothing is found. `hits` are the
     * matcher's hits for the word.
     */
    method SearchByLine(text: String, line: nat, character: nat, hits: seq<nat>)
      returns (placeholder: Option<Location>, thrown: bool)
      requires Valid() && ValidHits(hits, |symbolKeysSearch|)
      ensures thrown <==> line >= |Split(text, "\n")|
      ensures thrown ==> placeholder.None?
      ensures !thrown ==>
        placeholder == ByLine(State(), DocumentSymbolExtractor.SelectedName(Split(text, "\n")[line], character), hits)
    {
      var lines := Split(text, "\n");
      placeholder := None;
      if line >= |lines| {
        thrown := true;
        return;
      }
      thrown := false;
      var symbolName := DocumentSymbolExtractor.GetSelectedWord(lines[line], character);
      if symbolName != "" {
        var found := SearchByName(hits);
        if |found| > 0 {
          if LowerStr(found[0].name) == LowerStr(symbolName) {
            placeholder := Some(found[0].location);
          }
        }
      }
    }
  }

  /** Once a turn throws, the rest of the loop is skipped: the state is the one the throwing turn left. */
  lemma {:induction false} RemovalStops(ix: Index, uri: Uri, ss: seq<Symbol>, i: nat)
    requires 0 < i <= |ss| && RemoveDocSymbols(ix, uri, ss[..i]).thrown
    ensures RemoveDocSymbols(ix, uri, ss) == RemoveDocSymbols(ix, uri, ss[..i])
    decreases |ss| - i
  {
    if i < |ss| {
      assert ss[..i + 1][..i] == ss[..i];
      RemovalStops(ix, uri, ss, i + 1);
    } else {
      assert ss[..i] == ss;
    }
  }
}
